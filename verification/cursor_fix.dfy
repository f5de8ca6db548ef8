/** The edit cursor is a bare position, and Remove does not move it. When a
    record before the open one is removed, the cursor drifts onto the next
    record and a save overwrites that record. This module states the drift
    for the handlers as written and proves that a Remove which shifts the
    cursor along with the records makes the save land on the record that
    was opened. */
module CursorFix {
  import opened Wrappers
  import opened Document
  import opened Dashboard

  /** As written: with record `k` open, removing an earlier record `i` and then
      saving overwrites the record that followed `k`, and record `k` keeps its
      old contents. */
  lemma RemoveBeforeCursorRetargetsUpdate(s: State, i: nat, k: nat)
    requires s.cursor == Some(k) && i < k && k + 1 < |s.docs|
    requires Filled(s.editDraft)
    ensures Update(Remove(s, i)).docs[k - 1] == s.docs[k]
    ensures Update(Remove(s, i)).docs[k] == s.editDraft
  {
    var t := Remove(s, i);
    assert t.docs[k - 1] == s.docs[k];
  }

  /** The three sample records of the example below. */
  const A: Doc := Doc("A", "a", "")
  const B: Doc := Doc("B", "b", "")
  const C: Doc := Doc("C", "c", "")

  /** As written, on concrete records: the list [A, B, C] with B open, then
      Remove(0) and Update, ends as [B, B]. C is lost. */
  lemma RemoveWhileEditingLosesNeighbour()
    ensures Update(Remove(StartEdit(State([A, B, C], Empty, None, Empty), 1), 0)).docs == [B, B]
    ensures C !in Update(Remove(StartEdit(State([A, B, C], Empty, None, Empty), 1), 0)).docs
  {
    var s := StartEdit(State([A, B, C], Empty, None, Empty), 1);
    RemovedFirstOfThree(s);
    SaveOverSecond(Remove(s, 0));
  }

  /** First step of the example: Remove(0) shifts B and C left. */
  lemma RemovedFirstOfThree(s: State)
    requires s.docs == [A, B, C]
    ensures Remove(s, 0).docs == [B, C] && Remove(s, 0).cursor == s.cursor
    ensures Remove(s, 0).editDraft == s.editDraft
  {
  }

  /** Second step: the save lands on position 1, which now holds C. */
  lemma SaveOverSecond(r: State)
    requires r.docs == [B, C] && r.cursor == Some(1) && r.editDraft == B
    ensures Update(r).docs == [B, B] && C !in Update(r).docs
  {
    assert Filled(B) by {
      assert !Text.IsWhitespace(B.title[0]);
      assert !Text.IsWhitespace(B.description[0]);
    }
    assert Update(r).docs == r.docs[1 := B];
    assert C.title != B.title;
  }

  /** Where the cursor should point after the record at `i` is removed: one
      position down when `i` was before it, nowhere when `i` was the open
      record itself. */
  function ShiftCursor(cursor: Option<nat>, i: nat): Option<nat> {
    match cursor
    case None => None
    case Some(k) => if k == i then None else if i < k then Some(k - 1) else Some(k)
  }

  /** Corrected Remove: the same list as the handler as written, with the
      cursor moved along with the open record, so that it names the same
      record at its new position. */
  function RemoveTracked(s: State, i: nat): (r: State)
    ensures r.docs == Remove(s, i).docs && r.draft == s.draft && r.editDraft == s.editDraft
    ensures i >= |s.docs| ==> r == s
    ensures i < |s.docs| && s.cursor.Some? && s.cursor.value != i ==>
      var k := s.cursor.value;
      var k' := if i < k then k - 1 else k;
      && r.cursor == Some(k')
      && (k < |s.docs| ==> k' < |r.docs| && r.docs[k'] == s.docs[k])
    ensures s.cursor == Some(i) && i < |s.docs| ==> r.cursor.None?
    ensures s.cursor.None? ==> r.cursor.None?
  {
    if i < |s.docs| then Remove(s, i).(cursor := ShiftCursor(s.cursor, i)) else s
  }

  /** Dropping position `i` and then writing `d` at the shifted position of
      `k` is writing `d` at `k` and then dropping `i`. */
  lemma DropThenWrite<T>(xs: seq<T>, i: nat, k: nat, d: T)
    requires i < |xs| && k < |xs| && i != k
    ensures var k' := if i < k then k - 1 else k;
      (xs[..i] + xs[i + 1..])[k' := d] == xs[k := d][..i] + xs[k := d][i + 1..]
  {
  }

  /** Writing at `i` and then dropping `i` is just dropping `i`. */
  lemma WriteThenDropSame<T>(xs: seq<T>, i: nat, d: T)
    requires i < |xs|
    ensures xs[i := d][..i] + xs[i := d][i + 1..] == xs[..i] + xs[i + 1..]
  {
    assert xs[i := d][..i] == xs[..i];
    assert xs[i := d][i + 1..] == xs[i + 1..];
  }

  /** The case of the commutation where the open record is the one removed:
      the corrected Remove closes the edit, so the save writes nothing. */
  lemma CommuteWhenOpenRecordRemoved(s: State, i: nat)
    requires Filled(s.editDraft) && i < |s.docs| && s.cursor == Some(i)
    ensures Update(RemoveTracked(s, i)).docs == Remove(Update(s), i).docs
  {
    assert Update(s).docs == s.docs[i := s.editDraft];
    WriteThenDropSame(s.docs, i, s.editDraft);
  }

  /** The case of the commutation where another record is open: the save
      lands on that record at its shifted position. */
  lemma CommuteWhenOtherRecordOpen(s: State, i: nat, k: nat)
    requires Filled(s.editDraft) && s.cursor == Some(k) && k < |s.docs| && i < |s.docs| && i != k
    ensures Update(RemoveTracked(s, i)).docs == Remove(Update(s), i).docs
  {
    var d := s.editDraft;
    var k' := if i < k then k - 1 else k;
    var rt := RemoveTracked(s, i);
    assert rt.docs == s.docs[..i] + s.docs[i + 1..];
    assert Update(rt).docs == rt.docs[k' := d];
    assert Update(s).docs == s.docs[k := d];
    DropThenWrite(s.docs, i, k, d);
  }

  /** With the corrected Remove, removing a record and then saving gives the
      same list as saving first and then removing, in every state: the save
      always lands on the record that was opened, and on none once that
      record is gone. */
  lemma UpdateCommutesWithTrackedRemove(s: State, i: nat)
    ensures Update(RemoveTracked(s, i)).docs == Remove(Update(s), i).docs
  {
    if Filled(s.editDraft) && i < |s.docs| && s.cursor.Some? {
      var k := s.cursor.value;
      if k == i {
        CommuteWhenOpenRecordRemoved(s, i);
      } else if k >= |s.docs| {
        assert Update(s).docs == s.docs;
      } else {
        CommuteWhenOtherRecordOpen(s, i, k);
      }
    }
  }

  /** As written, the same exchange fails as soon as the open record sits
      after the removed one and the draft differs from its successor. */
  lemma UpdateDoesNotCommuteWithRemove(s: State, i: nat, k: nat)
    requires s.cursor == Some(k) && i < k && k + 1 < |s.docs|
    requires Filled(s.editDraft) && s.editDraft != s.docs[k + 1]
    ensures Update(Remove(s, i)).docs != Remove(Update(s), i).docs
  {
  }
}
