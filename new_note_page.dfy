/** The new-note form: the typed title and content, an error banner, a loading flag while
    the create request is in flight, and the current route. */
module NewNoteForm {
  import opened Wrappers
  import opened Text

  const TitleRequired := "Title is required"
  const SubmitFailed := "Failed to create note. Please try again."
  const Home := "/"
  const NewNoteRoute := "/new"

  /** The JSON body the form posts. */
  datatype NoteRequest = NoteRequest(title: string, content: string)

  class NewNotePage {
    var title: string
    var content: string
    var error: string
    var loading: bool
    var route: string

    constructor ()
      ensures title == "" && content == "" && error == "" && !loading && route == NewNoteRoute
    {
      title, content, error, loading, route := "", "", "", false, NewNoteRoute;
    }

    /** The submit button is enabled while no request is in flight and the title is not blank. */
    predicate SubmitEnabled()
      reads this
    {
      !loading && !IsBlank(title)
    }

    /** Leaving asks for confirmation when the title or the content holds more than whitespace. */
    predicate HasUnsavedText()
      reads this
    {
      !IsBlank(title) || !IsBlank(content)
    }

    method SetTitle(text: string)
      modifies this
      ensures title == text
      ensures content == old(content) && error == old(error) && loading == old(loading) && route == old(route)
    {
      title := text;
    }

    method SetContent(text: string)
      modifies this
      ensures content == text
      ensures title == old(title) && error == old(error) && loading == old(loading) && route == old(route)
    {
      content := text;
    }

    /** Submitting, up to sending the request. A blank title sets the error and sends
        nothing; otherwise the error is cleared, loading starts and the title and content
        are sent exactly as typed. */
    method Submit() returns (sent: Option<NoteRequest>)
      modifies this
      ensures IsBlank(title) ==> sent == None && error == TitleRequired && loading == old(loading)
      ensures !IsBlank(title) ==> sent == Some(NoteRequest(title, content)) && error == "" && loading
      ensures title == old(title) && content == old(content) && route == old(route)
    {
      if IsBlank(title) {
        error := TitleRequired;
        return None;
      }
      loading := true;
      error := "";
      sent := Some(NoteRequest(title, content));
    }

    /** The request's outcome: on success the route becomes the home page, on failure the
        error banner is set and the route is kept; loading is over either way. */
    method Settle(requestOk: bool)
      modifies this
      ensures !loading
      ensures requestOk ==> route == Home && error == old(error)
      ensures !requestOk ==> route == old(route) && error == SubmitFailed
      ensures title == old(title) && content == old(content)
    {
      if requestOk {
        route := Home;
      } else {
        error := SubmitFailed;
      }
      loading := false;
    }

    /** Cancelling. With unsaved text the user is asked and only a confirmation leaves;
        without, the page leaves at once. Returns whether the user was asked. */
    method Cancel(confirmed: bool) returns (asked: bool)
      modifies this
      ensures asked == old(HasUnsavedText())
      ensures route == if asked && !confirmed then old(route) else Home
      ensures title == old(title) && content == old(content)
      ensures error == old(error) && loading == old(loading)
    {
      asked := HasUnsavedText();
      if asked {
        if confirmed {
          route := Home;
        }
      } else {
        route := Home;
      }
    }
  }
}
