/** The Note schema: the stored record, the fields a caller may hand to
    `new Note({...})`, the defaults the schema fills in, and the required-path
    validation that `save()` runs before anything is written. */
module NoteModel {
  import opened Basics

  type UserId = nat

  /** A note document as stored. */
  datatype Note = Note(
    title: string,
    content: string,
    createdOn: int,
    userId: UserId,
    isPinned: bool,
    tags: seq<string>)

  /** The fields given to the model constructor; any of them may be left out. */
  datatype NoteFields = NoteFields(
    title: Option<string>,
    content: Option<string>,
    createdOn: Option<int>,
    userId: Option<UserId>,
    isPinned: Option<bool>,
    tags: Option<seq<string>>)

  /** The schema object. Its `createdOn` default is the single timestamp taken
      while the schema itself was being defined, not a function called per
      document, so every note that does not bring its own `createdOn` gets
      this one value. */
  datatype Schema = Schema(createdOnDefault: int)

  const DEFAULT_PINNED: bool := false
  const DEFAULT_TAGS: seq<string> := []

  /** The required paths of the schema. */
  datatype Path = TitlePath | ContentPath | UserIdPath

  /** A required String path is satisfied only by a non-empty string. */
  predicate Saveable(n: Note)
  {
    n.title != "" && n.content != ""
  }

  /** The required paths that `f` leaves unsatisfied. */
  function MissingPaths(f: NoteFields): set<Path>
  {
    (if StringGiven(f.title) then {} else {TitlePath})
    + (if StringGiven(f.content) then {} else {ContentPath})
    + (if f.userId.Some? then {} else {UserIdPath})
  }

  /** `new Note(f)` followed by the validation `save()` performs: the defaults
      are filled in, and the document is refused, naming every unsatisfied
      required path, when title, content or userId is missing. */
  function Build(schema: Schema, f: NoteFields): (r: Result<Note, set<Path>>)
    ensures r.Ok? <==> StringGiven(f.title) && StringGiven(f.content) && f.userId.Some?
    ensures r.Err? ==> r.error != {}
    ensures r.Err? ==> (TitlePath in r.error <==> !StringGiven(f.title))
    ensures r.Err? ==> (ContentPath in r.error <==> !StringGiven(f.content))
    ensures r.Err? ==> (UserIdPath in r.error <==> f.userId.None?)
    ensures r.Ok? ==> Saveable(r.value)
    ensures r.Ok? ==> r.value.title == f.title.value && r.value.content == f.content.value
    ensures r.Ok? ==> r.value.userId == f.userId.value
    ensures r.Ok? && f.isPinned.None? ==> !r.value.isPinned
    ensures r.Ok? && f.isPinned.Some? ==> r.value.isPinned == f.isPinned.value
    ensures r.Ok? && f.tags.None? ==> r.value.tags == []
    ensures r.Ok? && f.tags.Some? ==> r.value.tags == f.tags.value
    ensures r.Ok? && f.createdOn.None? ==> r.value.createdOn == schema.createdOnDefault
    ensures r.Ok? && f.createdOn.Some? ==> r.value.createdOn == f.createdOn.value
  {
    var missing := MissingPaths(f);
    if missing != {} then
      Err(missing)
    else
      Ok(Note(
        f.title.value,
        f.content.value,
        if f.createdOn.Some? then f.createdOn.value else schema.createdOnDefault,
        f.userId.value,
        if f.isPinned.Some? then f.isPinned.value else DEFAULT_PINNED,
        if f.tags.Some? then f.tags.value else DEFAULT_TAGS))
  }

  /** Two notes built from one schema, neither with its own `createdOn`, carry
      the same timestamp, however far apart they were created. */
  lemma SharedCreatedOn(schema: Schema, f: NoteFields, g: NoteFields)
    requires Build(schema, f).Ok? && Build(schema, g).Ok?
    requires f.createdOn.None? && g.createdOn.None?
    ensures Build(schema, f).value.createdOn == Build(schema, g).value.createdOn
  {
  }
}
