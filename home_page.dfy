/** The home page: the list of notes fetched once on load, a search filter over title and
    content, a sort by creation time, and deletion of a note after confirmation. */
module HomeView {
  import opened Wrappers
  import opened Text
  import opened Seqs
  import opened NoteSchema

  const Latest := "latest"

  /** The search predicate: the lower-cased search text occurs in the lower-cased title
      or in the lower-cased content. */
  predicate Matches(search: string, note: Note) {
    Contains(Lower(note.title), Lower(search)) || Contains(Lower(note.content), Lower(search))
  }

  /** The notes the search keeps: a subsequence of `notes` holding exactly the matching
      notes, every occurrence of them; an empty search keeps every note. */
  function FilterNotes(notes: seq<Note>, search: string): (r: seq<Note>)
    ensures IsSubsequence(r, notes)
    ensures forall n :: n in r <==> n in notes && Matches(search, n)
    ensures forall n :: n in notes && Matches(search, n) ==> multiset(r)[n] == multiset(notes)[n]
    ensures search == "" ==> r == notes
  {
    KeepIsSubsequence(notes, n => Matches(search, n));
    if search == "" then
      forall n | n in notes ensures Matches(search, n) {
        ContainsEmpty(Lower(n.title));
      }
      KeepAll(notes, n => Matches(search, n));
      Keep(notes, n => Matches(search, n))
    else
      Keep(notes, n => Matches(search, n))
  }

  /** The comparator: with `newestFirst` a note created later comes first, otherwise a
      note created earlier comes first. */
  predicate InOrder(newestFirst: bool, a: Note, b: Note) {
    if newestFirst then a.createdAt >= b.createdAt else a.createdAt <= b.createdAt
  }

  predicate SortedBy(newestFirst: bool, s: seq<Note>) {
    forall i, j :: 0 <= i < j < |s| ==> InOrder(newestFirst, s[i], s[j])
  }

  /** `Array.prototype.sort` with the creation-time comparator, as an insertion sort:
      the array ends up ordered and holds the same notes as before. */
  method SortInPlace(a: array<Note>, newestFirst: bool)
    modifies a
    ensures SortedBy(newestFirst, a[..])
    ensures multiset(a[..]) == multiset(old(a[..]))
  {
    var i := 0;
    while i < a.Length
      invariant 0 <= i <= a.Length
      invariant forall k, l :: 0 <= k < l < i ==> InOrder(newestFirst, a[k], a[l])
      invariant multiset(a[..]) == multiset(old(a[..]))
    {
      var j := i;
      while j > 0 && !InOrder(newestFirst, a[j - 1], a[j])
        invariant 0 <= j <= i
        invariant forall k, l :: 0 <= k < l <= i && l != j ==> InOrder(newestFirst, a[k], a[l])
        invariant multiset(a[..]) == multiset(old(a[..]))
      {
        a[j - 1], a[j] := a[j], a[j - 1];
        j := j - 1;
      }
      i := i + 1;
    }
  }

  /** What the page shows: a spinner while loading, otherwise the notes. */
  datatype View = Spinner | Listing(shown: seq<Note>)

  /** The state of the home page. */
  class HomePage {
    var notes: seq<Note>
    var loading: bool
    var search: string
    var sortOrder: string

    constructor ()
      ensures notes == [] && loading && search == "" && sortOrder == Latest
    {
      notes := [];
      loading := true;
      search := "";
      sortOrder := Latest;
    }

    /** The end of the initial fetch: on success the notes are the response's, on failure
        they stay as they were; either way loading is over. */
    method FetchSettled(response: Option<seq<Note>>)
      modifies this
      ensures !loading
      ensures notes == (if response.Some? then response.value else old(notes))
      ensures search == old(search) && sortOrder == old(sortOrder)
    {
      if response.Some? {
        notes := response.value;
      }
      loading := false;
    }

    /** Typing in the search box. */
    method SetSearch(text: string)
      modifies this
      ensures search == text
      ensures notes == old(notes) && loading == old(loading) && sortOrder == old(sortOrder)
    {
      search := text;
    }

    /** Choosing a sort order. */
    method SetSortOrder(order: string)
      modifies this
      ensures sortOrder == order
      ensures notes == old(notes) && loading == old(loading) && search == old(search)
    {
      sortOrder := order;
    }

    /** Rendering: while loading a spinner; otherwise the matching notes, sorted newest
        first for "latest" and oldest first for any other order. The state is not changed. */
    method Render() returns (view: View)
      ensures view.Spinner? <==> loading
      ensures view.Listing? ==> multiset(view.shown) == multiset(FilterNotes(notes, search))
      ensures view.Listing? ==> SortedBy(sortOrder == Latest, view.shown)
      ensures view.Listing? ==> forall n :: n in view.shown <==> n in notes && Matches(search, n)
    {
      if loading {
        return Spinner;
      }
      var filtered := FilterNotes(notes, search);
      var a := new Note[|filtered|](i requires 0 <= i < |filtered| => filtered[i]);
      assert a[..] == filtered;
      SortInPlace(a, sortOrder == Latest);
      view := Listing(a[..]);
      assert forall n :: n in view.shown <==> n in multiset(filtered);
    }

    /** Deleting after the user's answer to the confirmation and the request's outcome:
        only a confirmed, successful delete changes the list. Returns whether a request
        was sent. */
    method Delete(id: nat, confirmed: bool, requestOk: bool) returns (requested: bool)
      modifies this
      ensures requested == confirmed
      ensures notes == if confirmed && requestOk then RemoveNote(old(notes), id) else old(notes)
      ensures loading == old(loading) && search == old(search) && sortOrder == old(sortOrder)
    {
      if !confirmed {
        return false;
      }
      requested := true;
      if requestOk {
        notes := RemoveNote(notes, id);
      }
    }
  }

  /** `notes.filter(note => note._id !== id)`: every note with identifier `id` is gone,
      every other note is kept with all its occurrences, in the original order. */
  function RemoveNote(notes: seq<Note>, id: nat): (r: seq<Note>)
    ensures IsSubsequence(r, notes)
    ensures forall n :: n in r <==> n in notes && n.id != id
    ensures forall n :: n in notes && n.id != id ==> multiset(r)[n] == multiset(notes)[n]
  {
    KeepIsSubsequence(notes, (n: Note) => n.id != id);
    Keep(notes, (n: Note) => n.id != id)
  }

  /** Deleting an identifier that no note carries leaves the list as it is. */
  lemma RemoveAbsent(notes: seq<Note>, id: nat)
    requires forall n :: n in notes ==> n.id != id
    ensures RemoveNote(notes, id) == notes
  {
    KeepAll(notes, (n: Note) => n.id != id);
  }

  /** Deleting the same identifier twice removes nothing the second time. */
  lemma RemoveTwice(notes: seq<Note>, id: nat)
    ensures RemoveNote(RemoveNote(notes, id), id) == RemoveNote(notes, id)
  {
    RemoveAbsent(RemoveNote(notes, id), id);
  }
}
