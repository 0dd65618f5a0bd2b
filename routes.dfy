/** The request handlers of the notes backend, over an in-memory store.

    The store keeps a users table and a notes table, each a map from id to
    record. Ids are handed out by counters, so ascending id order is
    insertion order; the read-only queries walk the ids below the counter in
    that order, which stands in for the store's own document order.

    The caller's identity, which the token middleware decodes from the
    bearer token, is a plain `caller` argument of every protected route. */
module Routes {
  import opened Basics
  import opened NoteModel

  type NoteId = nat

  /** Lifetime every access token is signed with. */
  const TOKEN_EXPIRY: string := "36000m"

  /** A user account. The password is stored and compared as given. */
  datatype User = User(fullName: string, email: string, password: string, createdOn: int)

  /** The claims of an access token: the whole user record, including its
      password, under the key `user`. Signing is not modelled. */
  datatype Token = Token(userId: UserId, user: User, expiresIn: string)

  /** A stored note together with its id, as documents are returned. */
  datatype Entry = Entry(id: NoteId, note: Note)

  /** A value of the profile object that get-user returns. */
  datatype ProfileValue = Text(text: string) | ObjectId(id: UserId) | Timestamp(time: int)

  /** What a response carries besides its status, error flag and message. */
  datatype Payload =
    | NoPayload
    | Account(user: User, userId: UserId, accessToken: Token)
    | LoggedIn(email: string, accessToken: Token)
    | Profile(fields: map<string, ProfileValue>)
    | OneNote(entry: Entry)
    | NoteList(notes: seq<Entry>)

  /** A response: HTTP status, the `error` flag of the JSON body (absent from
      the bodies of get-user), the message and the payload. */
  datatype Response = Response(status: int, error: Option<bool>, message: string, payload: Payload)

  function Fail(status: int, message: string): Response
  {
    Response(status, Some(true), message, NoPayload)
  }

  function Success(message: string, payload: Payload): Response
  {
    Response(200, Some(false), message, payload)
  }

  // ---------------------------------------------------------------------
  // The users table
  // ---------------------------------------------------------------------

  /** No two accounts share an email address. */
  ghost predicate EmailsUnique(users: map<UserId, User>)
  {
    forall a, b :: a in users && b in users && users[a].email == users[b].email ==> a == b
  }

  predicate EmailTaken(users: map<UserId, User>, email: string)
  {
    exists id :: id in users && users[id].email == email
  }

  /** `User.findOne({ email })`: the first account, in id order below `bound`,
      whose email is exactly `email`. */
  function FindByEmail(users: map<UserId, User>, bound: nat, email: string): (r: Option<UserId>)
    ensures r.Some? ==> r.value < bound && r.value in users && users[r.value].email == email
    ensures r.Some? ==> forall id :: id < r.value && id in users ==> users[id].email != email
    ensures r.None? ==> forall id :: id < bound && id in users ==> users[id].email != email
    decreases bound
  {
    if bound == 0 then
      None
    else
      match FindByEmail(users, bound - 1, email)
      case Some(id) => Some(id)
      case None =>
        if bound - 1 in users && users[bound - 1].email == email then Some(bound - 1) else None
  }

  /** POST /login. The email is checked before the password; an unknown email
      and a wrong password are reported with status 200 and the error flag. */
  function Login(users: map<UserId, User>, bound: nat, email: Option<string>, password: Option<string>): (r: Response)
    ensures !StringGiven(email) ==> r == Fail(400, "Email is required!")
    ensures StringGiven(email) && !StringGiven(password) ==> r == Fail(400, "Password is required!")
    ensures StringGiven(email) && StringGiven(password) && FindByEmail(users, bound, email.value).None? ==>
              r == Fail(200, "User not found!")
    ensures StringGiven(email) && StringGiven(password) && FindByEmail(users, bound, email.value).Some? ==>
              var id := FindByEmail(users, bound, email.value).value;
              && (users[id].password != password.value ==> r == Fail(200, "Invalid credentials!"))
              && (users[id].password == password.value ==>
                    r == Success("Login successful!", LoggedIn(email.value, Token(id, users[id], TOKEN_EXPIRY))))
    ensures r.error == Some(false) ==>
              && StringGiven(email) && StringGiven(password)
              && r.payload.LoggedIn? && r.payload.email == email.value
              && var id := r.payload.accessToken.userId;
                 id < bound && id in users && users[id] == r.payload.accessToken.user
                 && users[id].email == email.value && users[id].password == password.value
  {
    if !StringGiven(email) then
      Fail(400, "Email is required!")
    else if !StringGiven(password) then
      Fail(400, "Password is required!")
    else
      match FindByEmail(users, bound, email.value)
      case None => Fail(200, "User not found!")
      case Some(id) =>
        var userInfo := users[id];
        if userInfo.password != password.value then
          Fail(200, "Invalid credentials!")
        else if userInfo.email == email.value && userInfo.password == password.value then
          Success("Login successful!", LoggedIn(email.value, Token(id, userInfo, TOKEN_EXPIRY)))
        else
          Fail(400, "Invalid credentials!")
  }

  /** For string-valued email and password, the final `else` of login never
      runs: the lookup already matched the email and the preceding check
      already matched the password, so no such request gets its 400
      "Invalid credentials!". */
  lemma LoginFinalElseUnreachable(users: map<UserId, User>, bound: nat, email: Option<string>, password: Option<string>)
    ensures Login(users, bound, email, password) != Fail(400, "Invalid credentials!")
    ensures Login(users, bound, email, password).status == 400 ==> !StringGiven(email) || !StringGiven(password)
  {
  }

  /** With unique emails, login succeeds exactly when some account has both
      the given email and the given password. */
  lemma LoginSucceedsIff(users: map<UserId, User>, bound: nat, email: string, password: string)
    requires EmailsUnique(users)
    requires email != "" && password != ""
    ensures Login(users, bound, Some(email), Some(password)).error == Some(false) <==>
            exists id :: id < bound && id in users && users[id].email == email && users[id].password == password
  {
  }

  /** GET /get-user: the caller's profile without the password. The id sits
      under the key " _id", with a leading space. An unknown caller gets a
      bare 401. */
  function GetUser(users: map<UserId, User>, caller: UserId): (r: Response)
    ensures r.status == 200 <==> caller in users
    ensures caller !in users ==> r == Response(401, None, "Unauthorized", NoPayload)
    ensures caller in users ==>
              && r.error == None && r.payload.Profile?
              && r.payload.fields.Keys == {"fullName", "email", " _id", "createdOn"}
              && "password" !in r.payload.fields && "_id" !in r.payload.fields
              && r.payload.fields["fullName"] == Text(users[caller].fullName)
              && r.payload.fields["email"] == Text(users[caller].email)
              && r.payload.fields[" _id"] == ObjectId(caller)
              && r.payload.fields["createdOn"] == Timestamp(users[caller].createdOn)
  {
    if caller !in users then
      Response(401, None, "Unauthorized", NoPayload)
    else
      var u := users[caller];
      Response(200, None, "", Profile(map[
        "fullName" := Text(u.fullName),
        "email" := Text(u.email),
        " _id" := ObjectId(caller),
        "createdOn" := Timestamp(u.createdOn)]))
  }

  // ---------------------------------------------------------------------
  // The notes table
  // ---------------------------------------------------------------------

  /** `Note.findOne({ _id: id, userId: caller })` finds a document. */
  predicate OwnedBy(notes: map<NoteId, Note>, id: NoteId, caller: UserId)
  {
    id in notes && notes[id].userId == caller
  }

  predicate Stored(notes: map<NoteId, Note>, e: Entry)
  {
    e.id in notes && notes[e.id] == e.note
  }

  predicate Ascending(s: seq<Entry>)
  {
    forall i, j :: 0 <= i < j < |s| ==> s[i].id < s[j].id
  }

  predicate NoRepeats(s: seq<Entry>)
  {
    forall i, j :: 0 <= i < j < |s| ==> s[i].id != s[j].id
  }

  /** Every pinned note comes before every unpinned one. */
  predicate PinnedFirst(s: seq<Entry>)
  {
    forall i, j :: 0 <= i < j < |s| && s[j].note.isPinned ==> s[i].note.isPinned
  }

  /** `Note.find(filter)`: the stored notes below `bound` that pass `filter`,
      each once, in id order. */
  function Find(notes: map<NoteId, Note>, bound: nat, filter: Note -> bool): (r: seq<Entry>)
    ensures forall i :: 0 <= i < |r| ==> Stored(notes, r[i]) && r[i].id < bound && filter(r[i].note)
    ensures forall id: NoteId :: id < bound && id in notes && filter(notes[id]) ==> Entry(id, notes[id]) in r
    ensures Ascending(r)
    decreases bound
  {
    if bound == 0 then
      []
    else
      var earlier := Find(notes, bound - 1, filter);
      if bound - 1 in notes && filter(notes[bound - 1]) then earlier + [Entry(bound - 1, notes[bound - 1])] else earlier
  }

  /** The filter `{ userId: caller }`, split by the pinned flag. */
  function OwnFilter(caller: UserId, pinned: bool): Note -> bool
  {
    (n: Note) => n.userId == caller && n.isPinned == pinned
  }

  /** GET /get-all-notes: exactly the caller's notes, each once, pinned ones
      first (`sort({ isPinned: -1 })`). */
  function GetAllNotes(notes: map<NoteId, Note>, bound: nat, caller: UserId): (r: Response)
    ensures r.status == 200 && r.error == Some(false) && r.payload.NoteList?
    ensures forall i :: 0 <= i < |r.payload.notes| ==>
              Stored(notes, r.payload.notes[i]) && r.payload.notes[i].note.userId == caller
    ensures forall id: NoteId :: id < bound && OwnedBy(notes, id, caller) ==> Entry(id, notes[id]) in r.payload.notes
    ensures NoRepeats(r.payload.notes)
    ensures PinnedFirst(r.payload.notes)
  {
    var pinned := Find(notes, bound, OwnFilter(caller, true));
    var unpinned := Find(notes, bound, OwnFilter(caller, false));
    PinnedThenUnpinned(notes, caller, pinned, unpinned);
    Success("Notes fetched successfully!", NoteList(pinned + unpinned))
  }

  /** The two halves of `sort({ isPinned: -1 })`: stored notes of `caller`,
      the pinned ones in id order followed by the unpinned ones in id order,
      form a list with no id twice and every pinned note first. */
  lemma PinnedThenUnpinned(notes: map<NoteId, Note>, caller: UserId, pinned: seq<Entry>, unpinned: seq<Entry>)
    requires forall i :: 0 <= i < |pinned| ==> Stored(notes, pinned[i]) && OwnFilter(caller, true)(pinned[i].note)
    requires forall i :: 0 <= i < |unpinned| ==> Stored(notes, unpinned[i]) && OwnFilter(caller, false)(unpinned[i].note)
    requires Ascending(pinned) && Ascending(unpinned)
    ensures forall i :: 0 <= i < |pinned + unpinned| ==>
              Stored(notes, (pinned + unpinned)[i]) && (pinned + unpinned)[i].note.userId == caller
    ensures NoRepeats(pinned + unpinned)
    ensures PinnedFirst(pinned + unpinned)
  {
  }

  /** A note is a hit for `query` when the pattern matches its title or its
      content. */
  predicate Hit(matches: (string, string) -> bool, query: string, n: Note)
  {
    matches(query, n.title) || matches(query, n.content)
  }

  /** GET /search-notes. A missing or empty query is refused before the store
      is consulted, so the answer then does not depend on the notes at all.
      Otherwise: exactly the caller's notes whose title or content matches.
      `matches(pattern, text)` is the case-insensitive regular-expression test
      `new RegExp(pattern, "i")`, which the store applies to both fields. */
  function SearchNotes(notes: map<NoteId, Note>, bound: nat, caller: UserId, query: Option<string>,
                       matches: (string, string) -> bool): (r: Response)
    ensures !StringGiven(query) ==> r == Fail(400, "Search Query is required!")
    ensures StringGiven(query) ==> r.status == 200 && r.error == Some(false) && r.payload.NoteList?
    ensures StringGiven(query) ==>
              forall i :: 0 <= i < |r.payload.notes| ==>
                && Stored(notes, r.payload.notes[i]) && r.payload.notes[i].note.userId == caller
                && Hit(matches, query.value, r.payload.notes[i].note)
    ensures StringGiven(query) ==>
              forall id: NoteId :: id < bound && OwnedBy(notes, id, caller) && Hit(matches, query.value, notes[id]) ==>
                Entry(id, notes[id]) in r.payload.notes
    ensures StringGiven(query) ==> Ascending(r.payload.notes)
  {
    if !StringGiven(query) then
      Fail(400, "Search Query is required!")
    else
      var q := query.value;
      Success("Notes fetched successfully!", NoteList(Find(notes, bound, SearchFilter(caller, matches, q))))
  }

  /** The filter `{ userId: caller, $or: [title, content] }` of search-notes. */
  function SearchFilter(caller: UserId, matches: (string, string) -> bool, query: string): Note -> bool
  {
    (n: Note) => n.userId == caller && Hit(matches, query, n)
  }

  /** A query only sees the notes its filter accepts: two tables that agree on
      those notes give the same answer, whatever else they hold. */
  lemma {:induction false} FindSeesOnlyFiltered(notes: map<NoteId, Note>, other: map<NoteId, Note>, bound: nat,
                                                filter: Note -> bool)
    requires forall id :: id in notes && filter(notes[id]) ==> id in other && other[id] == notes[id]
    requires forall id :: id in other && filter(other[id]) ==> id in notes && notes[id] == other[id]
    ensures Find(notes, bound, filter) == Find(other, bound, filter)
    decreases bound
  {
    if bound > 0 {
      FindSeesOnlyFiltered(notes, other, bound - 1, filter);
    }
  }

  /** `notes` and `other` hold the same notes for `caller`. */
  ghost predicate SameNotesOf(notes: map<NoteId, Note>, other: map<NoteId, Note>, caller: UserId)
  {
    && (forall id :: OwnedBy(notes, id, caller) <==> OwnedBy(other, id, caller))
    && (forall id :: OwnedBy(notes, id, caller) ==> notes[id] == other[id])
  }

  /** Owner scoping: what get-all-notes and search-notes answer a caller
      depends only on that caller's own notes, so nothing other users hold or
      do is visible to them. */
  lemma OwnerIsolation(notes: map<NoteId, Note>, other: map<NoteId, Note>, bound: nat, caller: UserId,
                       query: Option<string>, matches: (string, string) -> bool)
    requires SameNotesOf(notes, other, caller)
    ensures GetAllNotes(notes, bound, caller) == GetAllNotes(other, bound, caller)
    ensures SearchNotes(notes, bound, caller, query, matches) == SearchNotes(other, bound, caller, query, matches)
  {
    forall id | id in notes && notes[id].userId == caller
      ensures id in other && other[id] == notes[id]
    {
      assert OwnedBy(notes, id, caller);
    }
    forall id | id in other && other[id].userId == caller
      ensures id in notes && notes[id] == other[id]
    {
      assert OwnedBy(other, id, caller);
    }
    FindSeesOnlyFiltered(notes, other, bound, OwnFilter(caller, true));
    FindSeesOnlyFiltered(notes, other, bound, OwnFilter(caller, false));
    if StringGiven(query) {
      FindSeesOnlyFiltered(notes, other, bound, SearchFilter(caller, matches, query.value));
    }
  }

  // ---------------------------------------------------------------------
  // A matcher for patterns without regular-expression metacharacters:
  // ASCII case-insensitive substring search
  // ---------------------------------------------------------------------

  function LowerChar(c: char): char
  {
    if 'A' <= c <= 'Z' then (c as int + 32) as char else c
  }

  /** Folds the ASCII capitals of `s` to lower case: no capital is left. */
  function LowerAscii(s: string): (r: string)
    ensures forall i :: 0 <= i < |r| ==> !('A' <= r[i] <= 'Z')
  {
    seq(|s|, i requires 0 <= i < |s| => LowerChar(s[i]))
  }

  /** `p` occurs in `t` starting at index `i`. */
  predicate OccursAt(p: string, t: string, i: int)
  {
    0 <= i <= |t| - |p| && t[i..i + |p|] == p
  }

  predicate Occurs(p: string, t: string)
  {
    exists i :: 0 <= i <= |t| - |p| && OccursAt(p, t, i)
  }

  predicate IgnoreCaseContains(p: string, t: string)
  {
    Occurs(LowerAscii(p), LowerAscii(t))
  }

  /** A pattern that occurs verbatim in a text matches it. */
  lemma VerbatimOccurrenceMatches(p: string, t: string)
    requires Occurs(p, t)
    ensures IgnoreCaseContains(p, t)
  {
    var i :| 0 <= i <= |t| - |p| && OccursAt(p, t, i);
    assert FoldedAt(p, t, i);
    IgnoreCaseContainsIff(p, t);
  }

  /** Some window of `t` equals `p` up to the case of ASCII letters. */
  predicate FoldedAt(p: string, t: string, i: int)
  {
    0 <= i <= |t| - |p| && LowerAscii(t[i..i + |p|]) == LowerAscii(p)
  }

  /** What the `"i"` flag promises for a pattern without metacharacters: it
      matches exactly when some window of the text equals it up to case. */
  lemma IgnoreCaseContainsIff(p: string, t: string)
    ensures IgnoreCaseContains(p, t) <==> exists i :: FoldedAt(p, t, i)
  {
    if IgnoreCaseContains(p, t) {
      var i :| 0 <= i <= |t| - |p| && OccursAt(LowerAscii(p), LowerAscii(t), i);
      assert LowerAscii(t[i..i + |p|]) == LowerAscii(t)[i..i + |p|];
      assert FoldedAt(p, t, i);
    }
    if i :| FoldedAt(p, t, i) {
      assert LowerAscii(t[i..i + |p|]) == LowerAscii(t)[i..i + |p|];
      assert OccursAt(LowerAscii(p), LowerAscii(t), i);
    }
  }

  /** Searching with the case-insensitive substring matcher finds every note
      of the caller whose title or content contains the query verbatim. */
  lemma SearchFindsVerbatim(notes: map<NoteId, Note>, bound: nat, caller: UserId, query: string, id: NoteId)
    requires query != "" && id < bound && OwnedBy(notes, id, caller)
    requires Occurs(query, notes[id].title) || Occurs(query, notes[id].content)
    ensures Entry(id, notes[id]) in SearchNotes(notes, bound, caller, Some(query), IgnoreCaseContains).payload.notes
  {
    if Occurs(query, notes[id].title) {
      VerbatimOccurrenceMatches(query, notes[id].title);
    } else {
      VerbatimOccurrenceMatches(query, notes[id].content);
    }
  }

  // ---------------------------------------------------------------------
  // The routes that change the store
  // ---------------------------------------------------------------------

  /** A user account as create-account stores it: every field truthy. */
  predicate Complete(u: User)
  {
    u.fullName != "" && u.email != "" && u.password != ""
  }

  class NotesApp {
    var users: map<UserId, User>
    var notes: map<NoteId, Note>
    var nextUserId: nat
    var nextNoteId: nat
    /** The one Note schema of the process. */
    const schema: Schema

    /** Ids are below the counters, emails are unique, accounts are complete,
        and every note satisfies the schema's required paths and carries the
        schema's one default timestamp. */
    ghost predicate Valid()
      reads this
    {
      && (forall id :: id in users ==> id < nextUserId && Complete(users[id]))
      && (forall id :: id in notes ==> id < nextNoteId && Saveable(notes[id]))
      && (forall id :: id in notes ==> notes[id].createdOn == schema.createdOnDefault)
      && EmailsUnique(users)
    }

    /** On a valid store the read-only routes, scanning the ids below the
        note counter, see every note: get-all-notes lists every note the
        caller owns, and search-notes every such note that matches. */
    lemma QueriesCoverStore(caller: UserId, query: string, matches: (string, string) -> bool)
      requires Valid()
      requires query != ""
      ensures forall id :: OwnedBy(notes, id, caller) ==>
                Entry(id, notes[id]) in GetAllNotes(notes, nextNoteId, caller).payload.notes
      ensures forall id :: OwnedBy(notes, id, caller) && Hit(matches, query, notes[id]) ==>
                Entry(id, notes[id]) in SearchNotes(notes, nextNoteId, caller, Some(query), matches).payload.notes
    {
    }

    /** On a valid store, login scanning the ids below the user counter sees
        every account: it succeeds exactly when some stored account has both
        the given email and the given password. */
    lemma LoginCoversUsers(email: string, password: string)
      requires Valid()
      requires email != "" && password != ""
      ensures Login(users, nextUserId, Some(email), Some(password)).error == Some(false) <==>
              exists id :: id in users && users[id].email == email && users[id].password == password
    {
      LoginSucceedsIff(users, nextUserId, email, password);
    }

    constructor (schema: Schema)
      ensures Valid() && this.schema == schema
      ensures users == map[] && notes == map[]
    {
      this.schema := schema;
      users, notes := map[], map[];
      nextUserId, nextNoteId := 0, 0;
    }

    /** POST /create-account: fullName, then email, then password must be
        truthy (400 otherwise); an email already on file is refused with
        status 200 and the error flag; otherwise exactly one account is added
        under a fresh id and a token for it is returned. */
    method CreateAccount(fullName: Option<string>, email: Option<string>, password: Option<string>, createdOn: int)
      returns (r: Response)
      requires Valid()
      modifies this`users, this`nextUserId
      ensures Valid()
      ensures !StringGiven(fullName) ==> r == Fail(400, "Full name is required!") && unchanged(this)
      ensures StringGiven(fullName) && !StringGiven(email) ==> r == Fail(400, "Email is required!") && unchanged(this)
      ensures StringGiven(fullName) && StringGiven(email) && !StringGiven(password) ==>
                r == Fail(400, "Password is required!") && unchanged(this)
      ensures StringGiven(fullName) && StringGiven(email) && StringGiven(password) && EmailTaken(old(users), email.value) ==>
                r == Fail(200, "User already exists!") && unchanged(this)
      ensures StringGiven(fullName) && StringGiven(email) && StringGiven(password) && !EmailTaken(old(users), email.value) ==>
                var id := old(nextUserId);
                var u := User(fullName.value, email.value, password.value, createdOn);
                && id !in old(users) && users == old(users)[id := u] && nextUserId == id + 1
                && r == Success("User created successfully!", Account(u, id, Token(id, u, TOKEN_EXPIRY)))
    {
      if !StringGiven(fullName) {
        r := Fail(400, "Full name is required!");
        return;
      }
      if !StringGiven(email) {
        r := Fail(400, "Email is required!");
        return;
      }
      if !StringGiven(password) {
        r := Fail(400, "Password is required!");
        return;
      }
      var isUser := FindByEmail(users, nextUserId, email.value);
      if isUser.Some? {
        r := Fail(200, "User already exists!");
        return;
      }
      var u := User(fullName.value, email.value, password.value, createdOn);
      var id := nextUserId;
      users := users[id := u];
      nextUserId := nextUserId + 1;
      r := Success("User created successfully!", Account(u, id, Token(id, u, TOKEN_EXPIRY)));
    }

    /** POST /add-note: title, then content must be truthy (400 otherwise);
        then exactly one note is added under a fresh id, owned by the caller,
        unpinned, with the given tags or none. */
    method AddNote(caller: UserId, title: Option<string>, content: Option<string>, tags: Option<seq<string>>)
      returns (r: Response)
      requires Valid()
      modifies this`notes, this`nextNoteId
      ensures Valid()
      ensures !StringGiven(title) ==> r == Fail(400, "Title is required!") && unchanged(this)
      ensures StringGiven(title) && !StringGiven(content) ==> r == Fail(400, "Content is required!") && unchanged(this)
      ensures StringGiven(title) && StringGiven(content) ==>
                var id := old(nextNoteId);
                var n := Note(title.value, content.value, schema.createdOnDefault, caller, false,
                              if tags.Some? then tags.value else []);
                && id !in old(notes) && notes == old(notes)[id := n] && nextNoteId == id + 1
                && r == Success("Note added successfully!", OneNote(Entry(id, n)))
    {
      if !StringGiven(title) {
        r := Fail(400, "Title is required!");
        return;
      }
      if !StringGiven(content) {
        r := Fail(400, "Content is required!");
        return;
      }
      var fields := NoteFields(title, content, None, Some(caller), None, Some(if tags.Some? then tags.value else []));
      var built := Build(schema, fields);
      // The route's own checks leave the schema nothing to refuse.
      assert built.Ok?;
      var id := nextNoteId;
      notes := notes[id := built.value];
      nextNoteId := nextNoteId + 1;
      r := Success("Note added successfully!", OneNote(Entry(id, built.value)));
    }

    /** PUT /edit-note/:noteid: refused with 400 unless title, content or tags
        is truthy (isPinned alone does not count), then 404 unless the caller
        owns the note; then each truthy field among title, content, tags and
        isPinned overwrites the stored one and nothing else changes. isPinned
        is truthy only when true, so an edit never unpins a note. */
    method EditNote(caller: UserId, noteId: NoteId, title: Option<string>, content: Option<string>,
                    tags: Option<seq<string>>, isPinned: Option<bool>)
      returns (r: Response)
      requires Valid()
      modifies this`notes
      ensures Valid()
      ensures !StringGiven(title) && !StringGiven(content) && !ArrayGiven(tags) ==>
                r == Fail(400, "No Changes Provided!") && unchanged(this)
      ensures (StringGiven(title) || StringGiven(content) || ArrayGiven(tags)) && !OwnedBy(old(notes), noteId, caller) ==>
                r == Fail(404, "Note not found!") && unchanged(this)
      ensures (StringGiven(title) || StringGiven(content) || ArrayGiven(tags)) && OwnedBy(old(notes), noteId, caller) ==>
                var was := old(notes)[noteId];
                var n := Note(
                  if StringGiven(title) then title.value else was.title,
                  if StringGiven(content) then content.value else was.content,
                  was.createdOn,
                  was.userId,
                  if FlagGiven(isPinned) then isPinned.value else was.isPinned,
                  if ArrayGiven(tags) then tags.value else was.tags);
                && notes == old(notes)[noteId := n]
                && r == Success("Note updated successfully!", OneNote(Entry(noteId, n)))
      ensures forall id :: id in old(notes) && old(notes)[id].isPinned ==> id in notes && notes[id].isPinned
    {
      if !StringGiven(title) && !StringGiven(content) && !ArrayGiven(tags) {
        r := Fail(400, "No Changes Provided!");
        return;
      }
      if !OwnedBy(notes, noteId, caller) {
        r := Fail(404, "Note not found!");
        return;
      }
      var note := notes[noteId];
      if StringGiven(title) {
        note := note.(title := title.value);
      }
      if StringGiven(content) {
        note := note.(content := content.value);
      }
      if ArrayGiven(tags) {
        note := note.(tags := tags.value);
      }
      if FlagGiven(isPinned) {
        note := note.(isPinned := isPinned.value);
      }
      notes := notes[noteId := note];
      r := Success("Note updated successfully!", OneNote(Entry(noteId, note)));
    }

    /** DELETE /delete-note/:noteid: 404 unless the caller owns the note;
        otherwise exactly that note is removed. */
    method DeleteNote(caller: UserId, noteId: NoteId) returns (r: Response)
      requires Valid()
      modifies this`notes
      ensures Valid()
      ensures !OwnedBy(old(notes), noteId, caller) ==> r == Fail(404, "Note not found!") && unchanged(this)
      ensures OwnedBy(old(notes), noteId, caller) ==>
                notes == old(notes) - {noteId} && r == Success("Note deleted successfully!", NoPayload)
    {
      if !OwnedBy(notes, noteId, caller) {
        r := Fail(404, "Note not found!");
        return;
      }
      notes := notes - {noteId};
      r := Success("Note deleted successfully!", NoPayload);
    }

    /** PUT /update-note-Pinned/:noteid: 404 unless the caller owns the note;
        otherwise isPinned is assigned whatever the body says, false
        included. An absent isPinned unsets the field, which then reads back
        as the schema default, false. */
    method UpdateNotePinned(caller: UserId, noteId: NoteId, isPinned: Option<bool>) returns (r: Response)
      requires Valid()
      modifies this`notes
      ensures Valid()
      ensures !OwnedBy(old(notes), noteId, caller) ==> r == Fail(404, "Note not found!") && unchanged(this)
      ensures OwnedBy(old(notes), noteId, caller) ==>
                var n := old(notes)[noteId].(isPinned := if isPinned.Some? then isPinned.value else DEFAULT_PINNED);
                && notes == old(notes)[noteId := n]
                && r == Success("Note updated successfully!", OneNote(Entry(noteId, n)))
    {
      if !OwnedBy(notes, noteId, caller) {
        r := Fail(404, "Note not found!");
        return;
      }
      var note := notes[noteId];
      note := note.(isPinned := if isPinned.Some? then isPinned.value else DEFAULT_PINNED);
      notes := notes[noteId := note];
      r := Success("Note updated successfully!", OneNote(Entry(noteId, note)));
    }
  }

  /** First half of the end-to-end run: on an empty store, A registers and
      logs in, creates note N1, edits its title to N1b and pins it. */
  method FirstUserSteps(app: NotesApp) returns (a: UserId, n1: NoteId)
    requires app.Valid() && app.users == map[] && app.notes == map[]
    modifies app
    ensures app.Valid()
    ensures app.users == map[a := User("A", "a@example.org", "secret-a", 0)]
    ensures app.notes == map[n1 := Note("N1b", "body", app.schema.createdOnDefault, a, true, [])]
  {
    var r := app.CreateAccount(Some("A"), Some("a@example.org"), Some("secret-a"), 0);
    a := r.payload.userId;
    var login := Login(app.users, app.nextUserId, Some("a@example.org"), Some("secret-a"));
    LoginSucceedsIff(app.users, app.nextUserId, "a@example.org", "secret-a");
    assert login.error == Some(false);

    r := app.AddNote(a, Some("N1"), Some("body"), None);
    n1 := r.payload.entry.id;
    r := app.EditNote(a, n1, Some("N1b"), None, None, None);
    r := app.UpdateNotePinned(a, n1, Some(true));
  }

  /** Second half: B registers and creates note N2. */
  method SecondUserSteps(app: NotesApp, a: UserId, n1: NoteId, noteA: Note) returns (b: UserId, n2: NoteId)
    requires app.Valid()
    requires app.users == map[a := User("A", "a@example.org", "secret-a", 0)]
    requires app.notes == map[n1 := noteA]
    modifies app
    ensures a != b && n1 != n2
    ensures app.Valid()
    ensures app.notes == map[n1 := noteA, n2 := Note("N2", "body", app.schema.createdOnDefault, b, false, [])]
  {
    assert !EmailTaken(app.users, "b@example.org") by {
      assert app.users.Keys == {a};
    }
    var r := app.CreateAccount(Some("B"), Some("b@example.org"), Some("secret-b"), 0);
    b := r.payload.userId;
    r := app.AddNote(b, Some("N2"), Some("body"), None);
    n2 := r.payload.entry.id;
  }

  /** The end-to-end run: after both halves each user lists exactly their
      own note, A's pinned with its edited title and B's unpinned. */
  method EndToEnd(schema: Schema)
  {
    var app := new NotesApp(schema);
    var a, n1 := FirstUserSteps(app);
    var noteA := Note("N1b", "body", schema.createdOnDefault, a, true, []);
    var b, n2 := SecondUserSteps(app, a, n1, noteA);
    var noteB := Note("N2", "body", schema.createdOnDefault, b, false, []);

    var listA := GetAllNotes(app.notes, app.nextNoteId, a).payload.notes;
    assert OwnedBy(app.notes, n1, a);
    assert Entry(n1, noteA) in listA;
    forall i | 0 <= i < |listA|
      ensures listA[i] == Entry(n1, noteA)
    {
      assert Stored(app.notes, listA[i]) && listA[i].note.userId == a;
    }
    var listB := GetAllNotes(app.notes, app.nextNoteId, b).payload.notes;
    assert OwnedBy(app.notes, n2, b);
    assert Entry(n2, noteB) in listB;
    forall i | 0 <= i < |listB|
      ensures listB[i] == Entry(n2, noteB)
    {
      assert Stored(app.notes, listB[i]) && listB[i].note.userId == b;
    }
  }
}
