/** The dashboard's in-memory document store: the four pieces of component
    state and one pure transition per event handler. */
module Dashboard {
  import opened Wrappers
  import opened Text
  import opened Document

  /** `documents`, `newDocument`, `editIndex` and `editDocument`. */
  datatype State = State(docs: seq<Doc>, draft: Doc, cursor: Option<nat>, editDraft: Doc)

  /** The state the component mounts with. */
  const Init: State := State([], Empty, None, Empty)

  /** Both required fields of `d` hold a non-whitespace character. */
  predicate Filled(d: Doc) {
    !IsBlank(d.title) && !IsBlank(d.description)
  }

  /** The add and update guards accept exactly the records whose title and
      description are not all whitespace. */
  lemma SubmittableIffFilled(d: Doc)
    ensures Submittable(d) <==> Filled(d)
  {
  }

  /** `xs.filter((_, i) => i !== index)`, built position by position as the
      filter visits them. */
  function KeepOthers<T>(xs: seq<T>, index: nat): (r: seq<T>)
    ensures index < |xs| ==> r == xs[..index] + xs[index + 1..]
    ensures index >= |xs| ==> r == xs
  {
    if |xs| == 0 then []
    else
      var n := |xs| - 1;
      var front := KeepOthers(xs[..n], index);
      assert xs == xs[..n] + [xs[n]];
      if n != index then front + [xs[n]] else front
  }

  /** `xs.map((x, i) => i === cursor ? y : x)`, built position by position. */
  function ReplaceAtCursor<T>(xs: seq<T>, cursor: Option<nat>, y: T): (r: seq<T>)
    ensures cursor.Some? && cursor.value < |xs| ==> r == xs[cursor.value := y]
    ensures !(cursor.Some? && cursor.value < |xs|) ==> r == xs
  {
    if |xs| == 0 then []
    else
      var n := |xs| - 1;
      var front := ReplaceAtCursor(xs[..n], cursor, y);
      assert xs == xs[..n] + [xs[n]];
      front + [if cursor == Some(n) then y else xs[n]]
  }

  /** `handleChange`: one field of the new-document draft takes the typed
      value; everything else is untouched. */
  function Change(s: State, f: Field, v: string): (r: State)
    ensures Get(r.draft, f) == v
    ensures forall g :: g != f ==> Get(r.draft, g) == Get(s.draft, g)
    ensures r.docs == s.docs && r.cursor == s.cursor && r.editDraft == s.editDraft
  {
    s.(draft := Set(s.draft, f, v))
  }

  /** `handleEditChange`: one field of the edit draft takes the typed value;
      everything else is untouched. */
  function EditChange(s: State, f: Field, v: string): (r: State)
    ensures Get(r.editDraft, f) == v
    ensures forall g :: g != f ==> Get(r.editDraft, g) == Get(s.editDraft, g)
    ensures r.docs == s.docs && r.cursor == s.cursor && r.draft == s.draft
  {
    s.(editDraft := Set(s.editDraft, f, v))
  }

  /** `handleAddDocument`: a filled-in draft goes to the end of the list and
      the form is cleared; otherwise nothing happens. */
  function Add(s: State): (r: State)
    ensures Filled(s.draft) ==> r.docs == s.docs + [s.draft] && r.draft == Empty
    ensures !Filled(s.draft) ==> r == s
    ensures |r.docs| >= |s.docs| && r.docs[..|s.docs|] == s.docs
    ensures r.cursor == s.cursor && r.editDraft == s.editDraft
  {
    if !Submittable(s.draft) then s
    else s.(docs := s.docs + [s.draft], draft := Empty)
  }

  /** `handleRemoveDocument`: the record at `i` is dropped and the rest keep
      their order, shifting left past `i`. An index past the end drops
      nothing. The cursor and both drafts are left as they were, so the
      cursor may afterwards name a different record or none. */
  function Remove(s: State, i: nat): (r: State)
    ensures i < |s.docs| ==> |r.docs| == |s.docs| - 1
    ensures i < |s.docs| ==> forall j :: 0 <= j < |r.docs| ==>
      r.docs[j] == (if j < i then s.docs[j] else s.docs[j + 1])
    ensures i < |s.docs| ==> multiset(r.docs) + multiset{s.docs[i]} == multiset(s.docs)
    ensures i >= |s.docs| ==> r.docs == s.docs
    ensures r.cursor == s.cursor && r.draft == s.draft && r.editDraft == s.editDraft
  {
    assert i < |s.docs| ==> s.docs == s.docs[..i] + [s.docs[i]] + s.docs[i + 1..];
    s.(docs := KeepOthers(s.docs, i))
  }

  /** `handleEditStart`: the record at `i` becomes the single active edit and
      its contents are copied into the edit draft, replacing any earlier
      edit. The list and the new-document draft are untouched. */
  function StartEdit(s: State, i: nat): (r: State)
    requires i < |s.docs|
    ensures r.cursor == Some(i) && r.editDraft == s.docs[i]
    ensures r.docs == s.docs && r.draft == s.draft
  {
    s.(cursor := Some(i), editDraft := s.docs[i])
  }

  /** `handleUpdateDocument`: a filled-in edit draft replaces the record under
      the cursor (no record when the cursor is null or past the end), then
      the cursor is cleared and the edit draft reset. Otherwise nothing
      happens and the edit stays open. */
  function Update(s: State): (r: State)
    ensures Filled(s.editDraft) ==>
      && |r.docs| == |s.docs|
      && (forall j :: 0 <= j < |s.docs| && s.cursor != Some(j) ==> r.docs[j] == s.docs[j])
      && (s.cursor.Some? && s.cursor.value < |s.docs| ==> r.docs[s.cursor.value] == s.editDraft)
      && (!(s.cursor.Some? && s.cursor.value < |s.docs|) ==> r.docs == s.docs)
      && r.cursor == None && r.editDraft == Empty
    ensures !Filled(s.editDraft) ==> r == s
    ensures r.draft == s.draft
  {
    if !Submittable(s.editDraft) then s
    else s.(docs := ReplaceAtCursor(s.docs, s.cursor, s.editDraft), cursor := None, editDraft := Empty)
  }

  /** The inline Cancel handler: the edit is closed and nothing else moves;
      in particular the edit draft keeps its contents. */
  function Cancel(s: State): (r: State)
    ensures r.cursor == None
    ensures r.docs == s.docs && r.draft == s.draft && r.editDraft == s.editDraft
  {
    s.(cursor := None)
  }

  /** Opening a record for editing and saving it without changes leaves the
      list as it was, provided the record itself is filled in. */
  lemma EditWithoutChangesKeepsDocs(s: State, i: nat)
    requires i < |s.docs| && Filled(s.docs[i])
    ensures Update(StartEdit(s, i)).docs == s.docs
    ensures Update(StartEdit(s, i)).cursor == None
  {
  }

  /** Editing one field of an open record and saving replaces just that
      field of just that record. */
  lemma EditOneFieldThenUpdate(s: State, i: nat, f: Field, v: string)
    requires i < |s.docs|
    requires Filled(Set(s.docs[i], f, v))
    ensures Update(EditChange(StartEdit(s, i), f, v)).docs == s.docs[i := Set(s.docs[i], f, v)]
  {
  }

  /** Adding a filled-in draft and then removing the last position restores
      the list: Remove undoes Add. */
  lemma RemoveUndoesAdd(s: State)
    requires Filled(s.draft)
    ensures Remove(Add(s), |s.docs|).docs == s.docs
  {
  }

  /** Once an edit is cancelled a save writes no record: whatever the edit
      draft holds, the list comes out as it was. */
  lemma SaveAfterCancelWritesNothing(s: State)
    ensures Update(Cancel(s)).docs == s.docs
  {
  }
}
