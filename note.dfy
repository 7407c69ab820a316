/** The Note document schema: a required, trimmed title, a content string that defaults to
    empty, and creation and update timestamps managed by the store. */
module NoteSchema {
  import opened Wrappers
  import opened Text

  /** The validation message of the required title. */
  const TitleRequired := "Title is required"

  /** A stored note. `id` stands for the document identifier the store assigns; the two
      timestamps are readings of the store's clock. */
  datatype Note = Note(id: nat, title: string, content: string, createdAt: int, updatedAt: int)

  /** The raw fields handed to the store on creation; an absent field is `None`. */
  datatype NoteInput = NoteInput(title: Option<string>, content: Option<string>)

  /** What every persisted note satisfies: a non-empty title with no whitespace at its ends,
      and a creation time no later than its update time. */
  predicate WellFormed(n: Note) {
    n.title != "" && IsTrimmed(n.title) && n.createdAt <= n.updatedAt
  }

  /** Casting and validating a new document: the title is trimmed and must then be
      non-empty, an absent content becomes "", and both timestamps are `now`. */
  function Normalise(input: NoteInput, id: nat, now: int): (r: Result<Note, string>)
    ensures r.Failure? <==> input.title.None? || IsBlank(input.title.value)
    ensures r.Failure? ==> r.error == TitleRequired
    ensures r.Success? ==> WellFormed(r.value)
    ensures r.Success? ==> r.value.id == id && r.value.createdAt == now && r.value.updatedAt == now
    ensures r.Success? ==> r.value.title == Trim(input.title.value)
    ensures r.Success? ==> r.value.content == (if input.content.None? then "" else input.content.value)
  {
    match input.title
    case None => Failure(TitleRequired)
    case Some(t) =>
      var title := Trim(t);
      if title == "" then Failure(TitleRequired)
      else
        Success(Note(id, title, input.content.GetOr(""), now, now))
  }

  /** Normalising is idempotent: feeding a normalised note back in yields the same note. */
  lemma NormaliseIdempotent(input: NoteInput, id: nat, now: int)
    requires Normalise(input, id, now).Success?
    ensures var n := Normalise(input, id, now).value;
            Normalise(NoteInput(Some(n.title), Some(n.content)), id, now) == Normalise(input, id, now)
  {
    TrimmedIsFixed(Normalise(input, id, now).value.title);
  }
}
