/** The collection endpoint `/api/notes`: GET lists every stored note, POST validates the
    title, defaults the content and creates one note. Each handler turns any failure into a
    500 response with its own fixed message. */
module NotesRoute {
  import opened Wrappers
  import opened Text
  import opened NoteSchema

  const FetchFailed := "Failed to fetch notes"
  const CreateFailed := "Failed to create note"
  /** The body of the POST's 400 answer. */
  const MissingTitle := "Title is required"

  datatype Body = NoteList(notes: seq<Note>) | OneNote(note: Note) | ErrorBody(error: string)

  /** An HTTP response: a status code and a JSON body. */
  datatype Response = Response(status: int, body: Body)

  /** The POST guard `!body.title || body.title.trim() === ""`: an absent or empty
      title is falsy, and so is one that is blank after trimming. */
  predicate TitleMissing(title: Option<string>) {
    title.None? || title.value == "" || Trim(title.value) == ""
  }

  /** `body.content || ""`: an absent or empty content becomes "", any other is kept. */
  function ContentOrEmpty(content: Option<string>): (r: string)
    ensures content.None? ==> r == ""
    ensures content.Some? ==> r == content.value
  {
    if content.None? || content.value == "" then "" else content.value
  }

  /** The route rejects exactly the titles the schema would reject. */
  lemma TitleMissingIffBlank(title: Option<string>)
    ensures TitleMissing(title) <==> title.None? || IsBlank(title.value)
  {
  }

  /** Once the route's guard passes, the schema's own validation cannot fail, and it
      stores the trimmed title and the content as the route passes it. */
  lemma GuardImpliesValid(input: NoteInput, id: nat, now: int)
    requires !TitleMissing(input.title)
    ensures Normalise(NoteInput(input.title, Some(ContentOrEmpty(input.content))), id, now).Success?
  {
  }

  /** Every note is well-formed, and identifiers are distinct and below `nextId`. */
  predicate StoreInvariant(notes: seq<Note>, nextId: nat) {
    (forall i :: 0 <= i < |notes| ==> WellFormed(notes[i]) && notes[i].id < nextId) &&
    (forall i, j :: 0 <= i < j < |notes| ==> notes[i].id != notes[j].id)
  }

  /** Appending a well-formed note that carries the next fresh identifier keeps the invariant. */
  lemma AppendFresh(notes: seq<Note>, nextId: nat, n: Note)
    requires StoreInvariant(notes, nextId)
    requires WellFormed(n) && n.id == nextId
    ensures StoreInvariant(notes + [n], nextId + 1)
    ensures forall m :: m in notes ==> m.id != n.id
  {
    var s := notes + [n];
    forall i | 0 <= i < |s|
      ensures WellFormed(s[i]) && s[i].id < nextId + 1
    {
      if i < |notes| { assert s[i] == notes[i]; } else { assert s[i] == n; }
    }
    forall i, j | 0 <= i < j < |s|
      ensures s[i].id != s[j].id
    {
      assert s[i] == notes[i];
      if j < |notes| { assert s[j] == notes[j]; } else { assert s[j] == n; }
    }
  }

  /** The note collection. `nextId` is the source of fresh document identifiers. */
  class NoteStore {
    var notes: seq<Note>
    var nextId: nat

    ghost predicate Valid()
      reads this
    {
      StoreInvariant(notes, nextId)
    }

    constructor ()
      ensures Valid() && notes == []
    {
      notes := [];
      nextId := 0;
    }

    /** GET: all stored notes, in storage order, with 200; 500 when storage fails.
        The store is not changed. */
    method List(fails: bool) returns (resp: Response)
      requires Valid()
      ensures fails ==> resp == Response(500, ErrorBody(FetchFailed))
      ensures !fails ==> resp == Response(200, NoteList(notes))
    {
      if fails {
        return Response(500, ErrorBody(FetchFailed));
      }
      resp := Response(200, NoteList(notes));
    }

    /** POST. `connectFails` is a failure to reach the database before the body is read,
        `request` is `None` when the body is not JSON, and `writeFails` is a failure of
        the insert itself. */
    method Create(request: Option<NoteInput>, now: int, connectFails: bool, writeFails: bool)
      returns (resp: Response)
      requires Valid()
      modifies this
      ensures Valid()
      ensures connectFails || request.None? ==>
                resp == Response(500, ErrorBody(CreateFailed)) && notes == old(notes)
      ensures !connectFails && request.Some? && TitleMissing(request.value.title) ==>
                resp == Response(400, ErrorBody(MissingTitle)) && notes == old(notes)
      ensures !connectFails && request.Some? && !TitleMissing(request.value.title) && writeFails ==>
                resp == Response(500, ErrorBody(CreateFailed)) && notes == old(notes)
      ensures !connectFails && request.Some? && !TitleMissing(request.value.title) && !writeFails ==>
                resp.status == 201 && resp.body.OneNote? &&
                notes == old(notes) + [resp.body.note] &&
                resp.body.note.title == Trim(request.value.title.value) &&
                resp.body.note.content == ContentOrEmpty(request.value.content) &&
                resp.body.note.createdAt == now && resp.body.note.updatedAt == now &&
                (forall n :: n in old(notes) ==> n.id != resp.body.note.id)
    {
      if connectFails || request.None? {
        return Response(500, ErrorBody(CreateFailed));
      }
      var body := request.value;
      if TitleMissing(body.title) {
        return Response(400, ErrorBody(MissingTitle));
      }
      var doc := Normalise(NoteInput(body.title, Some(ContentOrEmpty(body.content))), nextId, now);
      if writeFails || doc.Failure? {
        return Response(500, ErrorBody(CreateFailed));
      }
      AppendFresh(notes, nextId, doc.value);
      notes := notes + [doc.value];
      nextId := nextId + 1;
      resp := Response(201, OneNote(doc.value));
    }
  }
}
