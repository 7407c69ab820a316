/** How the client pages and the collection endpoint fit together: the form's title check
    against the endpoint's, and the two round trips the pages make. */
module Flows {
  import opened Wrappers
  import opened Text
  import opened NoteSchema
  import opened NotesRoute
  import opened HomeView
  import opened NewNoteForm

  /** The form and the endpoint reject the same typed titles; so a title the form sends is
      never answered with 400, and the note created from it has the trimmed title and the
      content exactly as typed. */
  lemma FormAndRouteAgree(req: NoteRequest, id: nat, now: int)
    ensures TitleMissing(Some(req.title)) <==> IsBlank(req.title)
    ensures !IsBlank(req.title) ==>
              var doc := Normalise(NoteInput(Some(req.title), Some(ContentOrEmpty(Some(req.content)))), id, now);
              doc.Success? && doc.value.title == Trim(req.title) && doc.value.content == req.content
  {
  }

  /** While the submit button is enabled, the title it would send passes the endpoint's
      guard, and the schema accepts the note built from it. */
  lemma EnabledSubmitIsAccepted(page: NewNotePage, id: nat, now: int)
    requires page.SubmitEnabled()
    ensures !TitleMissing(Some(page.title))
    ensures Normalise(NoteInput(Some(page.title), Some(ContentOrEmpty(Some(page.content)))), id, now).Success?
  {
    FormAndRouteAgree(NoteRequest(page.title, page.content), id, now);
  }

  /** The home page's initial load against the store: on success it shows exactly the
      stored notes, on failure it keeps its empty list; it stops loading either way. */
  method LoadHome(store: NoteStore, page: HomePage, fails: bool)
    requires store.Valid()
    modifies page
    ensures !page.loading
    ensures page.notes == if fails then old(page.notes) else store.notes
    ensures page.search == old(page.search) && page.sortOrder == old(page.sortOrder)
  {
    var resp := store.List(fails);
    page.FetchSettled(if resp.status == 200 then Some(resp.body.notes) else None);
  }

  /** A submit from the form, carried through to the store. The endpoint never answers
      400 to it. With a non-blank title and no failure, the store gains exactly one note
      with the trimmed title, the typed content and both timestamps from the clock, the
      endpoint answers 201 with it, and the form goes home. */
  method SubmitToStore(page: NewNotePage, store: NoteStore, now: int, connectFails: bool, writeFails: bool)
    returns (resp: Option<Response>)
    requires store.Valid()
    modifies page, store
    ensures store.Valid()
    ensures resp.Some? ==> resp.value.status != 400
    ensures resp.None? <==> IsBlank(old(page.title))
    ensures resp.None? ==> store.notes == old(store.notes) && page.error == NewNoteForm.TitleRequired
    ensures !page.loading || resp.None?
    ensures page.title == old(page.title) && page.content == old(page.content)
    ensures resp.Some? && !connectFails && !writeFails ==>
              resp.value.status == 201 && resp.value.body.OneNote? &&
              var n := resp.value.body.note;
              store.notes == old(store.notes) + [n] &&
              n.title == Trim(old(page.title)) && n.content == old(page.content) &&
              n.createdAt == now && n.updatedAt == now && page.route == Home
    ensures resp.Some? && (connectFails || writeFails) ==>
              store.notes == old(store.notes) && page.route == old(page.route) &&
              page.error == SubmitFailed
  {
    var sent := page.Submit();
    if sent.None? {
      return None;
    }
    FormAndRouteAgree(sent.value, store.nextId, now);
    var body := NoteInput(Some(sent.value.title), Some(sent.value.content));
    var r := store.Create(Some(body), now, connectFails, writeFails);
    page.Settle(200 <= r.status < 300);
    resp := Some(r);
  }
}
